/** `ResponseStorageDB.handle_retry`: exponential backoff with jitter, a floor, a
    server-sent Retry-After and a cumulative budget.  Delays are reals; the drawn
    jitter is any value of the allowed interval. */
module Retry {
  import opened Wrappers

  /** The constructor's parameters, within the bounds it enforces. */
  datatype Config = Config(maxBackoff: real, baseDelay: real, jitter: real)
  {
    ghost predicate Valid() {
      maxBackoff > 0.0 && baseDelay > 0.0 && 0.0 <= jitter < 1.0
    }
  }

  datatype ConfigError = MaxBackoffNotPositive | BaseDelayNotPositive | JitterOutOfRange

  /** The constructor's checks, in its order. */
  function CheckedConfig(maxBackoff: real, baseDelay: real, jitter: real): (r: Result<Config, ConfigError>)
    ensures r.Ok? <==> Config(maxBackoff, baseDelay, jitter).Valid()
    ensures r.Ok? ==> r.value == Config(maxBackoff, baseDelay, jitter)
  {
    if maxBackoff <= 0.0 then Err(MaxBackoffNotPositive)
    else if baseDelay <= 0.0 then Err(BaseDelayNotPositive)
    else if !(0.0 <= jitter < 1.0) then Err(JitterOutOfRange)
    else Ok(Config(maxBackoff, baseDelay, jitter))
  }

  /** A row's retry bookkeeping. */
  datatype RetryState = RetryState(retryCount: nat, cumulativeBackoff: real)

  /** One transient failure: the jitter drawn for it, as a fraction of the spread,
      and the Retry-After its error carried. */
  datatype Failure = Failure(draw: real, retryAfter: Option<real>)
  {
    ghost predicate Valid() {
      -1.0 <= draw <= 1.0
    }
  }

  function Max(a: real, b: real): real {
    if a < b then b else a
  }

  function Min(a: real, b: real): real {
    if a < b then a else b
  }

  function Power(base: real, n: nat): real {
    if n == 0 then 1.0 else base * Power(base, n - 1)
  }

  lemma {:induction false} PowerExceeds(n: nat)
    ensures Power(2.0, n) >= (n + 1) as real
  {
    if n > 0 {
      PowerExceeds(n - 1);
    }
  }

  /** A wait doubled `n` times. */
  function Doubled(wait: real, n: nat): real {
    if n == 0 then wait else 2.0 * Doubled(wait, n - 1)
  }

  /** `base * 2**n` is the base doubled n times. */
  lemma {:induction false} DoubledIsPower(wait: real, n: nat)
    ensures Doubled(wait, n) == wait * Power(2.0, n)
  {
    if n > 0 {
      DoubledIsPower(wait, n - 1);
      assert wait * (2.0 * Power(2.0, n - 1)) == 2.0 * (wait * Power(2.0, n - 1));
    }
  }

  function Nominal(c: Config, n: nat): real {
    Min(Doubled(c.baseDelay, n), c.maxBackoff / 4.0)
  }

  /** A wait moved by the drawn share of its spread. */
  function Jittered(nominal: real, jitter: real, draw: real): real {
    nominal + draw * (nominal * jitter)
  }

  const MIN_RETRY_DELAY: real := 1.0

  /** The wait drawn for the retry after `n` earlier ones. */
  function Delay(c: Config, n: nat, f: Failure): real {
    Drawn(Nominal(c, n), c.jitter, f)
  }

  function Drawn(nominal: real, jitter: real, f: Failure): real {
    var drawn := Max(MIN_RETRY_DELAY, Jittered(nominal, jitter, f.draw));
    if f.retryAfter.Some? then Max(drawn, f.retryAfter.value) else drawn
  }

  /** The state after the retry is scheduled, or None: the request fails. */
  function Retried(c: Config, s: RetryState, f: Failure): Option<RetryState> {
    var total := s.cumulativeBackoff + Delay(c, s.retryCount, f);
    if total > c.maxBackoff then None else Some(RetryState(s.retryCount + 1, total))
  }

  // --- The wait in closed form -----------------------------------------------------

  /** Without jitter or Retry-After the first wait is the base delay and each later one
      twice the one before, between the floor of a second and a quarter of the budget. */
  lemma WaitsDouble(c: Config, n: nat, f: Failure)
    requires c.Valid() && f.draw * c.jitter == 0.0 && f.retryAfter.None?
    ensures Delay(c, 0, f) == Clamped(c.baseDelay, c.maxBackoff / 4.0)
    ensures 1.0 <= Delay(c, n, f) && (Delay(c, n, f) <= c.maxBackoff / 4.0 || Delay(c, n, f) == 1.0)
    ensures Delay(c, n, f) > 1.0 ==> Delay(c, n + 1, f) == Clamped(2.0 * Delay(c, n, f), c.maxBackoff / 4.0)
  {
    UndrawnIsClamped(c, 0, f);
    UndrawnIsClamped(c, n, f);
    UndrawnIsClamped(c, n + 1, f);
  }

  lemma UndrawnIsClamped(c: Config, n: nat, f: Failure)
    requires f.draw * c.jitter == 0.0 && f.retryAfter.None?
    ensures Delay(c, n, f) == Clamped(Doubled(c.baseDelay, n), c.maxBackoff / 4.0)
  {
    NoSpread(f.draw, Nominal(c, n), c.jitter);
  }

  /** Not above the cap, but at least a second. */
  function Clamped(wait: real, cap: real): real {
    if wait < 1.0 || cap < 1.0 then 1.0 else if wait > cap then cap else wait
  }

  lemma NoSpread(draw: real, nominal: real, jitter: real)
    requires draw * jitter == 0.0
    ensures draw * (nominal * jitter) == 0.0
  {
    assert draw * (nominal * jitter) == nominal * (draw * jitter);
  }

  /** The extreme draws move the undrawn wait by the whole of the jitter, either way. */
  lemma ExtremeDraws(c: Config, n: nat)
    requires c.Valid() && Nominal(c, n) * (1.0 - c.jitter) >= 1.0
    ensures var still := Delay(c, n, Failure(0.0, None));
            && Delay(c, n, Failure(1.0, None)) == still * (1.0 + c.jitter)
            && Delay(c, n, Failure(-1.0, None)) == still * (1.0 - c.jitter)
  {
    Spread(Nominal(c, n), c.jitter);
  }

  lemma Spread(nominal: real, jitter: real)
    requires 0.0 <= jitter < 1.0 && nominal * (1.0 - jitter) >= 1.0
    ensures nominal >= 1.0 && nominal * (1.0 + jitter) >= 1.0
    ensures Jittered(nominal, jitter, 0.0) == nominal
    ensures Jittered(nominal, jitter, 1.0) == nominal * (1.0 + jitter)
    ensures Jittered(nominal, jitter, -1.0) == nominal * (1.0 - jitter)
  {
    assert nominal > 0.0;
    assert nominal * jitter >= 0.0;
  }

  /** A draw in between moves it in proportion. */
  lemma SpreadIsLinear(nominal: real, jitter: real, draw: real)
    ensures 2.0 * Jittered(nominal, jitter, draw) ==
            Jittered(nominal, jitter, 1.0) * (1.0 + draw) + Jittered(nominal, jitter, -1.0) * (1.0 - draw)
  {
    var spread := nominal * jitter;
    assert Jittered(nominal, jitter, 1.0) == nominal + spread && Jittered(nominal, jitter, -1.0) == nominal - spread;
    assert (nominal + spread) * (1.0 + draw) + (nominal - spread) * (1.0 - draw) == 2.0 * (nominal + draw * spread);
  }

  /** A second's base and an hour's budget, without jitter: after five retries the wait
      is 32 seconds, and from the tenth on the cap of fifteen minutes. */
  lemma FiveRetriesOn()
    ensures var c := Config(3600.0, 1.0, 0.0);
            Delay(c, 5, Failure(0.0, None)) == 32.0 && Delay(c, 10, Failure(0.0, None)) == 900.0
  {
    var c := Config(3600.0, 1.0, 0.0);
    DoubledIsPower(1.0, 5);
    DoubledIsPower(1.0, 10);
    assert Power(2.0, 5) == 32.0;
    assert Power(2.0, 10) == 1024.0 by {
      assert Power(2.0, 8) == 256.0;
    }
    UndrawnIsClamped(c, 5, Failure(0.0, None));
    UndrawnIsClamped(c, 10, Failure(0.0, None));
  }

  /** The store's retry path over the row it reads and writes. */
  class RetryStore {
    const config: Config
    var rows: map<nat, RetryState>

    constructor (config: Config)
      requires config.Valid()
      ensures this.config == config && rows == map[]
    {
      this.config := config;
      rows := map[];
    }

    method HandleRetry(id: nat, f: Failure) returns (delay: Option<real>)
      modifies this
      ensures delay.Some? <==> id in old(rows) && Retried(config, old(rows)[id], f).Some?
      ensures delay.Some? ==>
                && delay.value == Delay(config, old(rows)[id].retryCount, f)
                && rows == old(rows)[id := Retried(config, old(rows)[id], f).value]
      ensures delay.None? ==> rows == old(rows)
      ensures id in old(rows) ==>
                var RetryState(retries, backoff) := old(rows)[id];
                var nominal := Min(Doubled(config.baseDelay, retries), config.maxBackoff / 4.0);
                var drawn := Max(1.0, Jittered(nominal, config.jitter, f.draw));
                var wait := if f.retryAfter.Some? then Max(drawn, f.retryAfter.value) else drawn;
                && (delay.Some? <==> backoff + wait <= config.maxBackoff)
                && (delay.Some? ==> delay.value == wait && rows == old(rows)[id := RetryState(retries + 1, backoff + wait)])
    {
      if id !in rows {
        return None;
      }
      var RetryState(retryCount, cumulativeBackoff) := rows[id];
      DoubledIsPower(config.baseDelay, retryCount);
      var nominal := config.baseDelay * Power(2.0, retryCount);
      var maxIndividual := config.maxBackoff / 4.0;
      nominal := Min(nominal, maxIndividual);
      var next := Max(MIN_RETRY_DELAY, Jittered(nominal, config.jitter, f.draw));
      if f.retryAfter.Some? {
        next := Max(next, f.retryAfter.value);
      }
      var total := cumulativeBackoff + next;
      if total > config.maxBackoff {
        return None;
      }
      rows := rows[id := RetryState(retryCount + 1, total)];
      return Some(next);
    }
  }

  // --- Whole runs of one request ----------------------------------------------

  const FRESH := RetryState(0, 0.0)

  /** The retries `failures` schedule from a fresh row, stopping at the first that
      exceeds the budget. */
  function Scheduled(c: Config, failures: seq<Failure>): (r: Option<RetryState>) {
    if failures == [] then Some(FRESH)
    else
      var before := Scheduled(c, failures[..|failures| - 1]);
      if before.None? then None else Retried(c, before.value, failures[|failures| - 1])
  }

  function Delays(c: Config, failures: seq<Failure>): seq<real> {
    seq(|failures|, i requires 0 <= i < |failures| => Delay(c, i, failures[i]))
  }

  function Sum(xs: seq<real>): real {
    if xs == [] then 0.0 else Sum(xs[..|xs| - 1]) + xs[|xs| - 1]
  }

  /** The accumulated backoff is the sum of the delays waited, within the budget;
      every delay is at least the floor and at least its Retry-After. */
  lemma {:induction false} ScheduledIsSumOfDelays(c: Config, failures: seq<Failure>)
    requires c.Valid() && Scheduled(c, failures).Some?
    ensures Scheduled(c, failures).value.retryCount == |failures|
    ensures Scheduled(c, failures).value.cumulativeBackoff == Sum(Delays(c, failures)) <= c.maxBackoff
    ensures forall i :: 0 <= i < |failures| ==> Delays(c, failures)[i] >= MIN_RETRY_DELAY
    ensures forall i :: 0 <= i < |failures| && failures[i].retryAfter.Some? ==>
              Delays(c, failures)[i] >= failures[i].retryAfter.value
  {
    if failures == [] {
    } else {
      var init := failures[..|failures| - 1];
      ScheduledIsSumOfDelays(c, init);
      assert Delays(c, failures)[..|failures| - 1] == Delays(c, init);
    }
  }

  /** The retries are scheduled exactly as long as their delays fit the budget together. */
  lemma {:induction false} ScheduledIffDelaysFit(c: Config, failures: seq<Failure>)
    requires c.Valid()
    ensures Scheduled(c, failures).Some? <==> Sum(Delays(c, failures)) <= c.maxBackoff
  {
    if failures != [] {
      var init := failures[..|failures| - 1];
      ScheduledIffDelaysFit(c, init);
      assert Delays(c, failures)[..|failures| - 1] == Delays(c, init);
      if Scheduled(c, init).Some? {
        ScheduledIsSumOfDelays(c, init);
      }
    }
  }

  /** The first retry whose uncapped wait reaches the cap. */
  ghost predicate FirstCapped(c: Config, n: nat) {
    c.baseDelay * Power(2.0, n) >= c.maxBackoff / 4.0 && forall m: nat :: m < n ==> c.baseDelay * Power(2.0, m) < c.maxBackoff / 4.0
  }

  lemma {:induction false} DoubledGrows(wait: real, m: nat, n: nat)
    requires wait > 0.0 && m <= n
    ensures 0.0 < Doubled(wait, m) <= Doubled(wait, n)
  {
    if n > 0 {
      DoubledGrows(wait, if m < n then m else n - 1, n - 1);
    }
  }

  lemma Times(base: real, p: real, n: real, cap: real)
    requires base > 0.0 && p >= n >= cap / base
    ensures base * p >= cap
  {
    assert base * (cap / base) == cap;
    ProductNonNegative(base, p - cap / base);
    assert base * (p - cap / base) == base * p - cap;
  }

  lemma FirstCappedExists(c: Config) returns (n: nat)
    requires c.Valid()
    ensures FirstCapped(c, n)
  {
    var cap := c.maxBackoff / 4.0;
    var far := (cap / c.baseDelay).Floor + 1;
    assert cap / c.baseDelay > 0.0;
    PowerExceeds(far);
    Times(c.baseDelay, Power(2.0, far), far as real, cap);
    n := 0;
    while c.baseDelay * Power(2.0, n) < cap
      invariant n <= far
      invariant forall m: nat :: m < n ==> c.baseDelay * Power(2.0, m) < cap
      decreases far - n
    {
      n := n + 1;
    }
  }

  lemma ProductNonNegative(a: real, b: real)
    requires a >= 0.0 && b >= 0.0
    ensures a * b >= 0.0
  {
  }

  lemma ProductAtLeast(draw: real, spread: real)
    requires draw >= -1.0 && spread >= 0.0
    ensures draw * spread >= -spread
  {
  }

  /** The least a capped wait can be: the share of the cap that jitter leaves. */
  function CappedShare(c: Config): real {
    c.maxBackoff / 4.0 - c.maxBackoff / 4.0 * c.jitter
  }

  lemma DrawnAtLeast(nominal: real, jitter: real, f: Failure)
    requires nominal >= 0.0 && jitter >= 0.0 && f.Valid()
    ensures Drawn(nominal, jitter, f) >= nominal - nominal * jitter
  {
    ProductNonNegative(nominal, jitter);
    ProductAtLeast(f.draw, nominal * jitter);
  }

  lemma CappedDelay(c: Config, n0: nat, n: nat, f: Failure)
    requires c.Valid() && f.Valid() && FirstCapped(c, n0) && n0 <= n
    ensures Delay(c, n, f) >= CappedShare(c)
  {
    DoubledGrows(c.baseDelay, n0, n);
    DoubledIsPower(c.baseDelay, n0);
    DrawnAtLeast(c.maxBackoff / 4.0, c.jitter, f);
  }

  lemma CappedShareIsPositive(c: Config)
    requires c.Valid()
    ensures CappedShare(c) >= 0.0
    ensures CappedShare(c) == c.maxBackoff / 4.0 * (1.0 - c.jitter)
  {
  }

  lemma CappedDelays(c: Config, n0: nat, failures: seq<Failure>)
    requires c.Valid() && FirstCapped(c, n0) && forall f :: f in failures ==> f.Valid()
    ensures forall i :: n0 <= i < |failures| ==> Delays(c, failures)[i] >= CappedShare(c)
  {
    forall i | n0 <= i < |failures|
      ensures Delays(c, failures)[i] >= CappedShare(c)
    {
      assert failures[i] in failures;
      CappedDelay(c, n0, i, failures[i]);
    }
  }

  function Multiple(k: int, share: real): real {
    if k <= 0 then 0.0 else Multiple(k - 1, share) + share
  }

  lemma {:induction false} MultipleIsProduct(k: nat, share: real)
    ensures Multiple(k, share) == k as real * share
  {
    if k > 0 {
      MultipleIsProduct(k - 1, share);
      assert k as real * share == (k - 1) as real * share + share;
    }
  }

  lemma {:induction false} SumAtLeast(xs: seq<real>, from: nat, share: real)
    requires forall i :: 0 <= i < |xs| ==> xs[i] >= 0.0
    requires forall i :: from <= i < |xs| ==> xs[i] >= share
    ensures Sum(xs) >= Multiple(|xs| - from, share)
  {
    if xs != [] {
      SumAtLeast(xs[..|xs| - 1], from, share);
    }
  }

  lemma Regroup(q: real, j: real, x: real, p: real)
    requires q * j == p
    ensures q * (x * j) == p * x
  {
  }

  /** More than `q = 4 / j` waits of `share = quarter * j` exceed four quarters. */
  lemma TooManyWaits(k: real, q: real, share: real, quarter: real, j: real)
    requires quarter > 0.0 && j > 0.0 && share == quarter * j && q * j == 4.0 && k > q
    ensures k * share > 4.0 * quarter
  {
  }

  lemma WaitsFit(k: int, share: real, quarter: real, j: real)
    requires quarter > 0.0 && j > 0.0 && share == quarter * j && Multiple(k, share) <= 4.0 * quarter
    ensures k as real <= 4.0 / j
  {
    var q := 4.0 / j;
    assert q * j == 4.0;
    if k <= 0 {
      assert q >= 0.0;
    } else if k as real > q {
      MultipleIsProduct(k, share);
      TooManyWaits(k as real, q, share, quarter, j);
    }
  }

  /** Waits of at least a second, and of at least `share` from the n0-th on, that
      together fit four quarters. */
  lemma WaitsAreBounded(waits: seq<real>, n0: nat, share: real, quarter: real, j: real)
    requires quarter > 0.0 && j > 0.0 && share == quarter * j && Sum(waits) <= 4.0 * quarter
    requires forall i :: 0 <= i < |waits| ==> waits[i] >= 1.0
    requires forall i :: n0 <= i < |waits| ==> waits[i] >= share
    ensures |waits| as real <= n0 as real + 4.0 / j
    ensures |waits| <= (4.0 * quarter).Floor
  {
    SumAtLeast(waits, 0, 1.0);
    MultipleIsProduct(|waits|, 1.0);
    SumAtLeast(waits, n0, share);
    WaitsFit(|waits| - n0, share, quarter, j);
  }

  /** Waits within the budget, each at least the floor and, from the n0-th on, at
      least the capped share. */
  ghost predicate WithinBudget(c: Config, n0: nat, waits: seq<real>) {
    && Sum(waits) <= c.maxBackoff
    && (forall i :: 0 <= i < |waits| ==> waits[i] >= MIN_RETRY_DELAY)
    && (forall i :: n0 <= i < |waits| ==> waits[i] >= CappedShare(c))
  }

  lemma ScheduledWithinBudget(c: Config, n0: nat, failures: seq<Failure>)
    requires c.Valid() && FirstCapped(c, n0) && forall f :: f in failures ==> f.Valid()
    requires Scheduled(c, failures).Some?
    ensures WithinBudget(c, n0, Delays(c, failures))
  {
    ScheduledIsSumOfDelays(c, failures);
    CappedDelays(c, n0, failures);
  }

  lemma WithinBudgetIsBounded(c: Config, n0: nat, waits: seq<real>)
    requires c.Valid() && WithinBudget(c, n0, waits)
    ensures |waits| as real <= n0 as real + 4.0 / (1.0 - c.jitter)
    ensures |waits| <= c.maxBackoff.Floor
  {
    CappedShareIsPositive(c);
    WaitsAreBounded(waits, n0, CappedShare(c), c.maxBackoff / 4.0, 1.0 - c.jitter);
  }

  /** However the failures fall, a request is retried at most
      n0 + 4 / (1 - jitter) times, and at most once per second of budget. */
  lemma RetriesAreBounded(c: Config, n0: nat, failures: seq<Failure>)
    requires c.Valid() && FirstCapped(c, n0) && forall f :: f in failures ==> f.Valid()
    requires Scheduled(c, failures).Some?
    ensures |failures| as real <= n0 as real + 4.0 / (1.0 - c.jitter)
    ensures |failures| <= c.maxBackoff.Floor
  {
    ScheduledWithinBudget(c, n0, failures);
    WithinBudgetIsBounded(c, n0, Delays(c, failures));
  }

  /** A wait that exactly fills the budget is scheduled: a Retry-After clamped to
      the whole budget still gets its one retry, exactly when the drawn wait alone
      would. */
  lemma FullBudgetIsWithinIt(c: Config, f: Failure)
    requires c.Valid() && f.retryAfter == Some(c.maxBackoff)
    ensures Scheduled(c, [f]).Some? <==> Scheduled(c, [f.(retryAfter := None)]).Some?
    ensures Scheduled(c, [f]).Some? ==> Scheduled(c, [f]).value.cumulativeBackoff == c.maxBackoff
  {
  }
}
