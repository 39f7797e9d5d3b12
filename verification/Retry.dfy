/** The retry executor's loop against the closed-form backoff. */
module Retry {
  import opened Lists

  datatype Failure = GrpcError(code: int) | OtherError

  /** What one call of the retried function gives. */
  datatype Attempt<+R> = Done(value: R) | Failed(failure: Failure)

  /** Delays are whole nanoseconds; the multiplier is an exact real. */
  datatype Config = Config(maxRetries: int, initialDelay: int, maxDelay: int, multiplier: real, retryable: seq<int>)

  datatype Result<+R> =
    | Succeeded(value: R)
    | GaveUp(failure: Failure)
    | Cancelled
    | Exhausted(last: Option<Failure>)

  function Min(a: int, b: int): int { if a < b then a else b }

  /** A real as a duration: truncated toward zero. */
  function Trunc(x: real): int { if x >= 0.0 then x.Floor else -(-x).Floor }

  function Times(x: real, y: real): real { x * y }

  /** Duration(float64(delay) * multiplier), then the cap. */
  function NextDelay(c: Config, delay: int): int {
    Min(Trunc(Times(delay as real, c.multiplier)), c.maxDelay)
  }

  /** The wait the loop makes after attempt k. */
  function LoopDelay(c: Config, k: nat): int {
    if k == 0 then c.initialDelay else NextDelay(c, LoopDelay(c, k - 1))
  }

  function Power(m: real, k: nat): real {
    if k == 0 then 1.0 else m * Power(m, k - 1)
  }

  /** CalculateBackoff: base * multiplier^k, truncated, then capped. */
  function CalculateBackoff(k: nat, base: int, maxDelay: int, m: real): int {
    Min(Trunc(Times(base as real, Power(m, k))), maxDelay)
  }

  predicate IsRetryable(c: Config, f: Failure) {
    f.GrpcError? && f.code in c.retryable
  }

  method CheckRetryable(c: Config, f: Failure) returns (ok: bool)
    ensures ok <==> IsRetryable(c, f)
    ensures ok <==> f.GrpcError? && exists i :: 0 <= i < |c.retryable| && c.retryable[i] == f.code
  {
    if f.OtherError? { return false; }
    for i := 0 to |c.retryable|
      invariant f.code !in c.retryable[..i]
    {
      if c.retryable[i] == f.code { return true; }
    }
    ok := false;
  }

  /** Attempt k fails in a way that is retried, and its wait is not cancelled. */
  predicate Continues<R>(c: Config, calls: seq<Attempt<R>>, cancelled: seq<bool>, k: nat)
    requires k < |calls| && k < |cancelled|
  {
    calls[k].Failed? && IsRetryable(c, calls[k].failure) && k < c.maxRetries && !cancelled[k]
  }

  /** What the loop reports when the call made k-th, f its outcome, does not continue. */
  function Verdict<R>(c: Config, outcome: Attempt<R>, k: nat): Result<R> {
    match outcome
    case Done(v) => Succeeded(v)
    case Failed(f) =>
      if !IsRetryable(c, f) then GaveUp(f) else if k >= c.maxRetries then Exhausted(Some(f)) else Cancelled
  }

  /**
   * calls[k] is what the k-th call would give, cancelled[k] whether the context ends during the wait after it.
   * The loop makes n calls: all but the last continue, the last decides, and the waits are the loop delays.
   */
  method Execute<R>(c: Config, calls: seq<Attempt<R>>, cancelled: seq<bool>)
    returns (result: Result<R>, n: nat, waits: seq<int>)
    requires |calls| > c.maxRetries && |cancelled| > c.maxRetries
    ensures c.maxRetries < 0 ==> n == 0 && result == Exhausted(None)
    ensures c.maxRetries >= 0 ==> 1 <= n <= c.maxRetries + 1
    ensures forall k :: 0 <= k < n - 1 ==> Continues(c, calls, cancelled, k)
    ensures n > 0 ==> !Continues(c, calls, cancelled, n - 1)
    ensures n > 0 ==> result == Verdict(c, calls[n - 1], n - 1)
    ensures n > 0 ==> var last := calls[n - 1];
      && (result.Succeeded? <==> last.Done?) && (last.Done? ==> result.value == last.value)
      && (result.GaveUp? <==> last.Failed? && !IsRetryable(c, last.failure)) && (result.GaveUp? ==> result.failure == last.failure)
      && (result.Exhausted? <==> last.Failed? && IsRetryable(c, last.failure) && n == c.maxRetries + 1)
      && (result.Exhausted? ==> result.last == Some(last.failure))
      && (result.Cancelled? <==> last.Failed? && IsRetryable(c, last.failure) && n <= c.maxRetries && cancelled[n - 1])
    ensures |waits| == if result.Cancelled? then n else if n == 0 then 0 else n - 1
    ensures forall k :: 0 <= k < |waits| ==> waits[k] == LoopDelay(c, k)
  {
    hide NextDelay, IsRetryable;
    var last: Option<Failure> := None;
    var delay := c.initialDelay;
    waits := [];
    n := 0;
    while n <= c.maxRetries
      invariant n <= c.maxRetries || n == 0
      invariant delay == LoopDelay(c, n)
      invariant |waits| == n && forall k :: 0 <= k < |waits| ==> waits[k] == LoopDelay(c, k)
      invariant forall k :: 0 <= k < n ==> Continues(c, calls, cancelled, k)
      invariant n == 0 ==> last == None
      decreases c.maxRetries - n
    {
      var outcome := calls[n];
      n := n + 1;
      if outcome.Done? { return Succeeded(outcome.value), n, waits; }
      last := Some(outcome.failure);
      var ok := CheckRetryable(c, outcome.failure);
      if !ok { return GaveUp(outcome.failure), n, waits; }
      if n - 1 >= c.maxRetries { break; }
      waits := waits + [delay];
      if cancelled[n - 1] { return Cancelled, n, waits; }
      delay := NextDelay(c, delay);
    }
    result := Exhausted(last);
  }

  // ---------------------------------------------------------------- loop delay against the closed form

  function IntPower(m: nat, k: nat): nat {
    if k == 0 then 1 else m * IntPower(m, k - 1)
  }

  lemma {:induction false} PowerIsInt(m: nat, k: nat)
    ensures Power(m as real, k) == IntPower(m, k) as real
  {
    if k > 0 {
      PowerIsInt(m, k - 1);
      MulReal(m, IntPower(m, k - 1));
    }
  }

  lemma MulReal(a: int, b: int)
    ensures Times(a as real, b as real) == (a * b) as real
  {
  }

  lemma TruncInt(a: int)
    ensures Trunc(a as real) == a
  {
    if a < 0 {
      assert -(a as real) == (-a) as real;
    }
  }

  lemma MulMono(a: nat, b: nat, m: nat)
    requires a <= b
    ensures a * m <= b * m
  {
  }

  lemma MulGrows(a: nat, m: nat)
    requires m >= 1
    ensures a * m >= a
  {
    MulMono(1, m, a);
  }

  /** A negative cap is left behind by a growing wait, unless the first product is already within it. */
  predicate CapHolds(c: Config, m: nat) {
    c.maxDelay >= 0 || m <= 1 || c.initialDelay * m <= c.maxDelay
  }

  /** For a whole multiplier the uncapped product reaches the cap at the same attempt in both forms. */
  lemma {:induction false} WholeMultiplier(c: Config, m: nat, k: nat)
    requires c.multiplier == m as real && k > 0
    requires k >= 2 ==> CapHolds(c, m)
    ensures LoopDelay(c, k) == Min(c.initialDelay * IntPower(m, k), c.maxDelay)
  {
    var base, cap, d := c.initialDelay, c.maxDelay, LoopDelay(c, k - 1);
    assert LoopDelay(c, k) == NextDelay(c, d);
    NextWhole(c, m, d);
    var p := base * IntPower(m, k - 1);
    assert base * IntPower(m, k) == p * m by { Reorder(base, m, IntPower(m, k - 1)); }
    if k == 1 {
      assert p == base && d == base;
    } else {
      WholeMultiplier(c, m, k - 1);
      if cap < 0 && m > 1 { StaysWithin(c, m, k - 1); }
      hide LoopDelay, NextDelay, IntPower;
      CapThenTimes(p, cap, m);
    }
  }

  lemma {:induction false} StaysWithin(c: Config, m: nat, k: nat)
    requires c.maxDelay < 0 && m > 1 && c.initialDelay * m <= c.maxDelay && k > 0
    ensures c.initialDelay * IntPower(m, k) <= c.maxDelay
  {
    Reorder(c.initialDelay, m, IntPower(m, k - 1));
    if k == 1 {
      assert IntPower(m, 0) == 1;
      assert c.initialDelay * IntPower(m, 1) == c.initialDelay * m;
    } else {
      StaysWithin(c, m, k - 1);
      hide IntPower;
      TimesBelow(c.initialDelay * IntPower(m, k - 1), m);
    }
  }

  lemma TimesBelow(p: int, m: nat)
    requires p < 0 && m >= 1
    ensures p * m <= p
  {
  }

  /** Past a negative cap the loop's wait runs away: it stays below the cap. */
  lemma {:induction false} RunsAway(c: Config, m: nat, k: nat)
    requires c.multiplier == m as real && k >= 2 && !CapHolds(c, m)
    ensures LoopDelay(c, k) < Min(c.initialDelay * IntPower(m, k), c.maxDelay)
  {
    var base, cap, d := c.initialDelay, c.maxDelay, LoopDelay(c, k - 1);
    assert LoopDelay(c, k) == NextDelay(c, d);
    NextWhole(c, m, d);
    var p := base * IntPower(m, k - 1);
    assert base * IntPower(m, k) == p * m by { Reorder(base, m, IntPower(m, k - 1)); }
    if k == 2 {
      WholeMultiplier(c, m, 1);
      assert IntPower(m, 1) == m * IntPower(m, 0) == m;
    } else {
      RunsAway(c, m, k - 1);
    }
    assert d <= cap && d < p;
    hide LoopDelay, NextDelay, IntPower;
    TimesBelow(d, m);
    Falls(d, m);
    TimesStrict(d, p, m);
  }

  lemma Falls(d: int, m: nat)
    requires d < 0 && m > 1
    ensures d * m < d
  {
  }

  lemma TimesStrict(a: int, b: int, m: nat)
    requires a < b && m > 0
    ensures a * m < b * m
  {
  }

  lemma NextWhole(c: Config, m: nat, d: int)
    requires c.multiplier == m as real
    ensures NextDelay(c, d) == Min(d * m, c.maxDelay)
  {
    NextIs(c, d);
    hide NextDelay, Trunc, Times;
    MulReal(d, m);
    TruncInt(d * m);
  }

  lemma CapThenTimes(p: int, cap: int, m: nat)
    requires cap >= 0 || m <= 1 || p <= cap
    ensures Min(Min(p, cap) * m, cap) == Min(p * m, cap)
  {
    if p > cap && m > 1 {
      MulGrows(cap, m);
      MulMono(cap, p, m);
    } else if m == 1 {
      assert Min(p, cap) * m == Min(p, cap);
    }
  }

  lemma Reorder(a: int, m: nat, b: nat)
    ensures a * (m * b) == a * b * m
  {
  }

  /**
   * For every whole-number multiplier, the wait after attempt k is CalculateBackoff(k) exactly when, for the first
   * attempt, the initial delay is within the cap, and, from the third on, the cap holds.
   */
  lemma LoopIsClosedForm(c: Config, m: nat, k: nat)
    requires c.multiplier == m as real
    ensures LoopDelay(c, k) == CalculateBackoff(k, c.initialDelay, c.maxDelay, c.multiplier)
       <==> (k == 0 ==> c.initialDelay <= c.maxDelay) && (k >= 2 ==> CapHolds(c, m))
  {
    ClosedFormWhole(c, m, k);
    hide CalculateBackoff, NextDelay, CapHolds;
    if k >= 2 && !CapHolds(c, m) {
      RunsAway(c, m, k);
    } else if k > 0 {
      WholeMultiplier(c, m, k);
    } else {
      assert c.initialDelay * IntPower(m, 0) == c.initialDelay;
    }
  }

  lemma ClosedFormWhole(c: Config, m: nat, k: nat)
    requires c.multiplier == m as real
    ensures CalculateBackoff(k, c.initialDelay, c.maxDelay, c.multiplier) ==
      Min(c.initialDelay * IntPower(m, k), c.maxDelay)
  {
    PowerIsInt(m, k);
    hide Power, IntPower, Trunc, Times;
    MulReal(c.initialDelay, IntPower(m, k));
    TruncInt(c.initialDelay * IntPower(m, k));
  }

  lemma MulMonoReal(a: real, b: real, m: real)
    requires 0.0 <= m && a <= b
    ensures Times(a, m) <= Times(b, m)
  {
  }

  lemma NextDelayBelow(c: Config, d: nat)
    requires c.multiplier >= 0.0 && c.maxDelay >= 0
    ensures 0 <= NextDelay(c, d) <= c.maxDelay
    ensures NextDelay(c, d) as real <= d as real * c.multiplier
  {
    MulMonoReal(0.0, d as real, c.multiplier);
  }

  /** The wait after attempt k before truncation and cap. */
  function Product(c: Config, k: nat): real {
    Times(c.initialDelay as real, Power(c.multiplier, k))
  }

  lemma {:induction false} LoopBelowProduct(c: Config, k: nat)
    requires c.multiplier >= 0.0 && c.initialDelay >= 0 && c.maxDelay >= 0
    ensures 0 <= LoopDelay(c, k)
    ensures LoopDelay(c, k) as real <= Product(c, k)
  {
    hide NextDelay;
    if k > 0 {
      LoopBelowProduct(c, k - 1);
      var d, p := LoopDelay(c, k - 1), Power(c.multiplier, k - 1);
      NextDelayBelow(c, d);
      StayBelow(LoopDelay(c, k) as real, d as real, c.initialDelay as real, p, c.multiplier);
    }
  }

  lemma StayBelow(next: real, d: real, base: real, p: real, m: real)
    requires m >= 0.0 && next <= d * m && d <= base * p
    ensures next <= base * (m * p)
  {
    MulMonoReal(d, base * p, m);
    ReorderReal(base, m, p);
  }

  lemma ReorderReal(a: real, m: real, b: real)
    ensures a * (m * b) == a * b * m
  {
  }

  /** For any multiplier the loop never waits longer than the closed form says, first attempt within the cap. */
  lemma LoopNeverLonger(c: Config, k: nat)
    requires c.multiplier >= 0.0 && c.initialDelay >= 0
    requires k > 0 || c.initialDelay <= c.maxDelay
    ensures LoopDelay(c, k) <= CalculateBackoff(k, c.initialDelay, c.maxDelay, c.multiplier)
  {
    ClosedIsProduct(c, k);
    if c.maxDelay < 0 {
      NegativeCap(c, k);
      return;
    }
    hide Power, NextDelay, Product, Trunc, CalculateBackoff;
    LoopBelowProduct(c, k);
    if k > 0 {
      LoopBelowProduct(c, k - 1);
      NextDelayBelow(c, LoopDelay(c, k - 1));
    }
    BelowTrunc(LoopDelay(c, k), Product(c, k));
  }

  lemma NegativeCap(c: Config, k: nat)
    requires c.multiplier >= 0.0 && c.initialDelay >= 0 && c.maxDelay < 0 && k > 0
    ensures LoopDelay(c, k) <= c.maxDelay == Min(Trunc(Product(c, k)), c.maxDelay)
  {
    ProductNotNegative(c, k);
    hide Product, LoopDelay, Power, Times;
    assert LoopDelay(c, k) <= c.maxDelay by { LoopCapped(c, k); }
  }

  lemma LoopCapped(c: Config, k: nat)
    requires k > 0
    ensures LoopDelay(c, k) <= c.maxDelay
  {
    hide Trunc, Times;
  }

  lemma {:induction false} ProductNotNegative(c: Config, k: nat)
    requires c.multiplier >= 0.0 && c.initialDelay >= 0
    ensures Product(c, k) >= 0.0
  {
    if k > 0 {
      ProductNotNegative(c, k - 1);
      ProductStep(c, k);
      hide Product;
      MulMonoReal(0.0, Product(c, k - 1), c.multiplier);
    } else {
      FirstProduct(c);
    }
  }

  lemma ClosedIsProduct(c: Config, k: nat)
    ensures CalculateBackoff(k, c.initialDelay, c.maxDelay, c.multiplier) == Min(Trunc(Product(c, k)), c.maxDelay)
  {
    hide Times, Power, Trunc;
  }

  /** CalculateBackoff is the exact product without its fraction, unless that is over the cap. */
  lemma BackoffIsTruncated(c: Config, k: nat)
    ensures var b, p := CalculateBackoff(k, c.initialDelay, c.maxDelay, c.multiplier), Product(c, k);
      if p >= 0.0
      then if p >= c.maxDelay as real then b == c.maxDelay else 0 <= b && b as real <= p < b as real + 1.0
      else if c.maxDelay >= 0 then b <= 0 && b as real - 1.0 < p <= b as real else b <= c.maxDelay
  {
    ClosedIsProduct(c, k);
    hide Product, CalculateBackoff;
  }

  lemma ProductStep(c: Config, k: nat)
    requires k > 0
    ensures Product(c, k) == Times(Product(c, k - 1), c.multiplier)
  {
    ReorderReal(c.initialDelay as real, c.multiplier, Power(c.multiplier, k - 1));
  }

  lemma BelowTrunc(a: nat, x: real)
    requires a as real <= x
    ensures a <= Trunc(x)
  {
  }

  /** Attempt j's wait loses nothing by truncation, or the cap has taken over for good. */
  predicate Unrounded(c: Config, j: nat) {
    || (Product(c, j) == Trunc(Product(c, j)) as real && Product(c, j) <= c.maxDelay as real)
    || (c.multiplier >= 1.0 && Product(c, j) >= c.maxDelay as real)
  }

  /** The loop's wait after a later attempt k is CalculateBackoff(k) if no wait in between was rounded below the cap. */
  lemma UnroundedIsClosedForm(c: Config, k: nat)
    requires c.multiplier >= 0.0 && c.initialDelay >= 0 && c.maxDelay >= 0 && k > 0
    requires forall j :: 1 <= j < k ==> Unrounded(c, j)
    ensures LoopDelay(c, k) == CalculateBackoff(k, c.initialDelay, c.maxDelay, c.multiplier)
  {
    hide Unrounded, LoopDelay, CalculateBackoff, Product, Trunc;
    UnroundedProduct(c, k);
    ClosedIsProduct(c, k);
  }

  lemma {:induction false} UnroundedProduct(c: Config, k: nat)
    requires c.multiplier >= 0.0 && c.initialDelay >= 0 && c.maxDelay >= 0 && k > 0
    requires forall j :: 1 <= j < k ==> Unrounded(c, j)
    ensures LoopDelay(c, k) == Min(Trunc(Product(c, k)), c.maxDelay)
  {
    hide Power, Trunc, Product, Unrounded;
    ProductStep(c, k);
    if k == 1 {
      assert Product(c, 0) == c.initialDelay as real by { FirstProduct(c); }
    } else {
      UnroundedProduct(c, k - 1);
      UnroundedNext(c, k);
    }
  }

  lemma FirstProduct(c: Config)
    ensures Product(c, 0) == c.initialDelay as real
  {
  }

  lemma UnroundedNext(c: Config, k: nat)
    requires c.multiplier >= 0.0 && c.maxDelay >= 0 && k > 1 && Unrounded(c, k - 1)
    requires LoopDelay(c, k - 1) == Min(Trunc(Product(c, k - 1)), c.maxDelay)
    requires Product(c, k) == Times(Product(c, k - 1), c.multiplier)
    ensures LoopDelay(c, k) == Min(Trunc(Product(c, k)), c.maxDelay)
  {
    var p, d := Product(c, k - 1), LoopDelay(c, k - 1);
    assert LoopDelay(c, k) == NextDelay(c, d);
    hide Power, Trunc, Product, LoopDelay, NextDelay, Times;
    if p == Trunc(p) as real && p <= c.maxDelay as real {
      assert d as real == p;
      NextIs(c, d);
    } else {
      BelowTrunc(c.maxDelay, p);
      assert d == c.maxDelay;
      PastCap(c, p);
    }
  }

  lemma NextIs(c: Config, d: int)
    ensures NextDelay(c, d) == Min(Trunc(Times(d as real, c.multiplier)), c.maxDelay)
  {
    hide Trunc, Times;
  }

  lemma PastCap(c: Config, p: real)
    requires c.maxDelay >= 0 && c.multiplier >= 1.0 && p >= c.maxDelay as real
    ensures NextDelay(c, c.maxDelay) == c.maxDelay
    ensures Min(Trunc(Times(p, c.multiplier)), c.maxDelay) == c.maxDelay
  {
    hide Trunc, NextDelay;
    NextIs(c, c.maxDelay);
    CapGrows(c.maxDelay, c.multiplier);
    MulMonoReal(c.maxDelay as real, p, c.multiplier);
    hide Times;
    BelowTrunc(c.maxDelay, Times(p, c.multiplier));
    BelowTrunc(c.maxDelay, Times(c.maxDelay as real, c.multiplier));
  }

  lemma CapGrows(cap: nat, m: real)
    requires m >= 1.0
    ensures cap as real <= Times(cap as real, m)
  {
    MulMonoReal(1.0, m, cap as real);
  }

  /** What truncation and cap take from the exact product at attempt j. */
  function Lost(c: Config, j: nat): real {
    Product(c, j) - CalculateBackoff(j, c.initialDelay, c.maxDelay, c.multiplier) as real
  }

  /**
   * For any multiplier, the waits after attempts 1 to k all are CalculateBackoff exactly when no loss, multiplied
   * once more, is larger than the next one.
   */
  lemma {:induction false} LoopAgreesExactly(c: Config, k: nat)
    requires c.multiplier >= 0.0 && c.initialDelay >= 0 && c.maxDelay >= 0 && k >= 1
    ensures (forall j :: 1 <= j <= k ==>
              LoopDelay(c, j) == CalculateBackoff(j, c.initialDelay, c.maxDelay, c.multiplier))
       <==> (forall j :: 1 <= j < k ==> Times(Lost(c, j), c.multiplier) <= Lost(c, j + 1))
  {
    hide LoopDelay, CalculateBackoff, Lost, Times;
    if k == 1 {
      FirstAgrees(c);
    } else {
      LoopAgreesExactly(c, k - 1);
      if LoopDelay(c, k - 1) == CalculateBackoff(k - 1, c.initialDelay, c.maxDelay, c.multiplier) {
        NextAgrees(c, k - 1);
      }
    }
  }

  lemma FirstAgrees(c: Config)
    ensures LoopDelay(c, 1) == CalculateBackoff(1, c.initialDelay, c.maxDelay, c.multiplier)
  {
    ClosedIsProduct(c, 1);
    ProductStep(c, 1);
    FirstProduct(c);
    hide Trunc, Product, CalculateBackoff, Times;
    assert LoopDelay(c, 1) == NextDelay(c, LoopDelay(c, 0));
  }

  lemma NextAgrees(c: Config, j: nat)
    requires c.multiplier >= 0.0 && c.initialDelay >= 0 && c.maxDelay >= 0 && j >= 1
    requires LoopDelay(c, j) == CalculateBackoff(j, c.initialDelay, c.maxDelay, c.multiplier)
    ensures LoopDelay(c, j + 1) == CalculateBackoff(j + 1, c.initialDelay, c.maxDelay, c.multiplier) <==>
      Times(Lost(c, j), c.multiplier) <= Lost(c, j + 1)
  {
    var m, p, b := c.multiplier, Product(c, j), LoopDelay(c, j);
    LoopBelowProduct(c, j);
    LoopBelowProduct(c, j + 1);
    ClosedIsProduct(c, j + 1);
    ProductStep(c, j + 1);
    assert LoopDelay(c, j + 1) == NextDelay(c, b);
    NextIs(c, b);
    assert Lost(c, j) == p - b as real;
    var q := Product(c, j + 1);
    var b' := CalculateBackoff(j + 1, c.initialDelay, c.maxDelay, m);
    assert Lost(c, j + 1) == q - b' as real;
    hide Power, LoopDelay, NextDelay, CalculateBackoff, Product, Lost;
    LossTimes(p, b as real, m);
    CappedAgree(b as real, m, q, c.maxDelay);
  }

  lemma LossTimes(p: real, b: real, m: real)
    ensures Times(p - b, m) == Times(p, m) - Times(b, m)
  {
  }

  lemma CappedAgree(b: real, m: real, q: real, cap: int)
    requires 0.0 <= b && m >= 0.0 && cap >= 0 && q >= Times(b, m)
    ensures var x, b' := Times(b, m), Min(Trunc(q), cap);
      Min(Trunc(x), cap) == b' <==> b' as real <= x
  {
    MulMonoReal(0.0, b, m);
  }

  /** With a fractional multiplier it can wait less: the loop truncates at every step. */
  lemma FractionalCanBeShorter() returns (c: Config)
    ensures c.multiplier == 1.5 && c.initialDelay <= c.maxDelay
    ensures LoopDelay(c, 2) < CalculateBackoff(2, c.initialDelay, c.maxDelay, c.multiplier)
  {
    c := Config(3, 1, 100, 1.5, []);
    assert LoopDelay(c, 1) == 1;
    assert LoopDelay(c, 2) == 1;
    assert Power(1.5, 2) == 2.25 by { assert Power(1.5, 1) == 1.5; }
  }

  /** From a negative initial delay it can wait longer, as truncation is toward zero. */
  lemma NegativeCanBeLonger() returns (c: Config)
    ensures c.multiplier == 1.5 && c.initialDelay < 0 <= c.maxDelay
    ensures LoopDelay(c, 2) > CalculateBackoff(2, c.initialDelay, c.maxDelay, c.multiplier)
  {
    c := Config(3, -1, 100, 1.5, []);
    assert LoopDelay(c, 1) == -1;
    assert LoopDelay(c, 2) == -1;
    assert Power(1.5, 2) == 2.25 by { assert Power(1.5, 1) == 1.5; }
  }
}
