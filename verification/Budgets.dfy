/** Backoff budgets over whole runs, whatever parameters each session retries with. */
module Budgets {
  import opened Wrappers
  import opened Requests
  import opened Staging
  import opened Protocol
  import Retry

  /** No row has been put off for longer than the largest budget of any session. */
  ghost predicate BudgetHolds(s: State) {
    && s.config.Valid() && s.config.maxBackoff <= s.budget
    && forall i :: 0 <= i < |s.rows| ==> 0.0 <= s.rows[i].cumulativeBackoff <= s.budget
  }

  /** From its `n`-th retry on, a row has been put off by at least `share` for each. */
  ghost predicate Paid(s: State, n: nat, share: real) {
    forall i :: 0 <= i < |s.rows| ==> PaidRow(s.rows[i], n, share)
  }

  predicate PaidRow(row: Row, n: nat, share: real) {
    Retry.Multiple(row.retryCount - n, share) <= row.cumulativeBackoff
  }

  /** Every delay from the `n`-th retry on is at least `share`. */
  ghost predicate PaysFrom(c: Retry.Config, n: nat, share: real) {
    forall m: nat, f: Retry.Failure :: n <= m && f.Valid() ==> Retry.Delay(c, m, f) >= share
  }

  /** No row's bookkeeping moves, and new rows start at nothing. */
  ghost predicate BudgetsKept(t: Table, t': Table) {
    && |t| <= |t'|
    && (forall i :: 0 <= i < |t| ==> t'[i].retryCount == t[i].retryCount && t'[i].cumulativeBackoff == t[i].cumulativeBackoff)
    && (forall i :: |t| <= i < |t'| ==> t'[i].retryCount == 0 && t'[i].cumulativeBackoff == 0.0)
  }

  lemma OthersKeepBudgets(s: State, e: Event)
    requires Enabled(s, e) && !MovesOne(e) && !e.Open?
    ensures var s' := Apply(s, e); BudgetsKept(s.rows, s'.rows) && s'.config == s.config && s'.budget == s.budget
  {
  }

  lemma StepKeepsBudget(s: State, e: Event)
    requires Enabled(s, e) && BudgetHolds(s)
    ensures BudgetHolds(Apply(s, e))
  {
    if e.RetryLater? {
    } else if MovesOne(e) {
    } else if !e.Open? {
      OthersKeepBudgets(s, e);
    }
  }

  lemma StepKeepsPaid(s: State, e: Event, n: nat, share: real)
    requires Enabled(s, e) && BudgetHolds(s) && Paid(s, n, share) && PaysFrom(s.config, n, share)
    ensures Paid(Apply(s, e), n, share)
  {
    var s' := Apply(s, e);
    if e.RetryLater? {
      var row := s.rows[At(s, e.w).id];
      assert PaidRow(row, n, share);
      assert row.retryCount >= n ==> Retry.Delay(s.config, row.retryCount, e.failure) >= share;
    } else {
      if MovesOne(e) {
      } else if !e.Open? {
        OthersKeepBudgets(s, e);
      }
      forall i | 0 <= i < |s'.rows|
        ensures PaidRow(s'.rows[i], n, share)
      {
        assert i < |s.rows| ==> PaidRow(s.rows[i], n, share);
      }
    }
  }

  lemma {:induction false} RunKeepsBudget(trace: seq<State>, i: nat)
    requires Run(trace) && i < |trace|
    ensures BudgetHolds(trace[i])
  {
    if i > 0 {
      RunKeepsBudget(trace, i - 1);
      assert Step(trace[i - 1], trace[i - 1 + 1]);
      var e :| Enabled(trace[i - 1], e) && trace[i] == Apply(trace[i - 1], e);
      StepKeepsBudget(trace[i - 1], e);
    }
  }

  lemma {:induction false} RunPays(trace: seq<State>, i: nat, n: nat, share: real)
    requires Run(trace) && i < |trace| && forall k :: 0 <= k < |trace| ==> PaysFrom(trace[k].config, n, share)
    ensures Paid(trace[i], n, share)
  {
    if i > 0 {
      RunPays(trace, i - 1, n, share);
      RunKeepsBudget(trace, i - 1);
      assert Step(trace[i - 1], trace[i - 1 + 1]);
      var e :| Enabled(trace[i - 1], e) && trace[i] == Apply(trace[i - 1], e);
      StepKeepsPaid(trace[i - 1], e, n, share);
    }
  }

  // --- How often a row is retried -------------------------------------------------------

  lemma SharesFit(k: real, q: real, share: real, all: real, budget: real)
    requires share > 0.0 && all == k * share && q * share == budget && all <= budget
    ensures k <= q
  {
    assert k > q ==> (k - q) * share > 0.0;
    assert (k - q) * share == all - budget;
  }

  lemma Share(k: int, share: real, budget: real)
    requires share > 0.0 && budget >= 0.0 && Retry.Multiple(k, share) <= budget
    ensures k <= (budget / share).Floor
  {
    var q := budget / share;
    if k > 0 {
      Retry.MultipleIsProduct(k, share);
      SharesFit(k as real, q, share, Retry.Multiple(k, share), budget);
    } else {
      assert q >= 0.0;
    }
  }

  ghost predicate RetriedAtMost(s: State, limit: nat) {
    forall i :: 0 <= i < |s.rows| ==> s.rows[i].retryCount <= limit
  }

  /** Over every run: if every delay of every session, from the `n`-th retry on, is at
      least `share`, no row is retried more often than n times and once more for each
      share of the largest budget. */
  lemma RetriesAreShares(trace: seq<State>, i: nat, n: nat, share: real)
    requires Run(trace) && i < |trace| && share > 0.0
    requires forall k :: 0 <= k < |trace| ==> PaysFrom(trace[k].config, n, share)
    ensures (trace[i].budget / share).Floor >= 0
    ensures RetriedAtMost(trace[i], n + (trace[i].budget / share).Floor)
  {
    RunKeepsBudget(trace, i);
    RunPays(trace, i, n, share);
    var s := trace[i];
    Share(0, share, s.budget);
    forall k | 0 <= k < |s.rows|
      ensures s.rows[k].retryCount <= n + (s.budget / share).Floor
    {
      assert PaidRow(s.rows[k], n, share);
      Share(s.rows[k].retryCount - n, share, s.budget);
    }
  }

  /** Every delay is at least a second. */
  lemma SecondsPay(c: Retry.Config)
    ensures PaysFrom(c, 0, Retry.MIN_RETRY_DELAY)
  {
  }

  /** So, with no assumption on the sessions, at most once for each second of the largest
      budget. */
  lemma RetriesAreSeconds(trace: seq<State>, i: nat)
    requires Run(trace) && i < |trace|
    ensures trace[i].budget.Floor >= 0 && RetriedAtMost(trace[i], trace[i].budget.Floor)
  {
    forall k | 0 <= k < |trace|
      ensures PaysFrom(trace[k].config, 0, Retry.MIN_RETRY_DELAY)
    {
      SecondsPay(trace[k].config);
    }
    RetriesAreShares(trace, i, 0, Retry.MIN_RETRY_DELAY);
    assert trace[i].budget / Retry.MIN_RETRY_DELAY == trace[i].budget;
  }

  /** One configuration for all sessions. */
  ghost predicate Always(trace: seq<State>, c: Retry.Config) {
    forall k :: 0 <= k < |trace| ==> trace[k].config == c
  }

  lemma StepMovesBudget(s: State, e: Event)
    requires Enabled(s, e)
    ensures Apply(s, e).budget == if e.Open? then Retry.Max(s.budget, Apply(s, e).config.maxBackoff) else s.budget
  {
  }

  /** The largest budget is then that configuration's. */
  lemma {:induction false} AlwaysOneBudget(trace: seq<State>, i: nat, c: Retry.Config)
    requires Run(trace) && i < |trace| && Always(trace, c)
    ensures trace[i].budget == c.maxBackoff
  {
    if i > 0 {
      AlwaysOneBudget(trace, i - 1, c);
      assert Step(trace[i - 1], trace[i - 1 + 1]);
      var e :| Enabled(trace[i - 1], e) && trace[i] == Apply(trace[i - 1], e);
      StepMovesBudget(trace[i - 1], e);
    }
  }

  lemma CappedPays(c: Retry.Config, n0: nat)
    requires c.Valid() && Retry.FirstCapped(c, n0)
    ensures PaysFrom(c, n0, Retry.CappedShare(c))
  {
    forall m: nat, f: Retry.Failure | n0 <= m && f.Valid()
      ensures Retry.Delay(c, m, f) >= Retry.CappedShare(c)
    {
      Retry.CappedDelay(c, n0, m, f);
    }
  }

  /** With one configuration throughout, no row is retried more often than
      n0 + 4 / (1 - jitter) times. */
  lemma RetriesAreCapped(trace: seq<State>, i: nat, c: Retry.Config, n0: nat)
    requires Run(trace) && i < |trace| && Always(trace, c) && Retry.FirstCapped(c, n0)
    ensures (4.0 / (1.0 - c.jitter)).Floor >= 0
    ensures RetriedAtMost(trace[i], n0 + (4.0 / (1.0 - c.jitter)).Floor)
  {
    RunKeepsBudget(trace, i);
    AlwaysOneBudget(trace, i, c);
    assert trace[i].config == c;
    CappedPays(c, n0);
    RunPays(trace, i, n0, Retry.CappedShare(c));
    Retry.CappedShareIsPositive(c);
    Retry.WaitsFit(0, Retry.CappedShare(c), c.maxBackoff / 4.0, 1.0 - c.jitter);
    var s := trace[i];
    forall k | 0 <= k < |s.rows|
      ensures s.rows[k].retryCount <= n0 + (4.0 / (1.0 - c.jitter)).Floor
    {
      assert PaidRow(s.rows[k], n0, Retry.CappedShare(c));
      Retry.WaitsFit(s.rows[k].retryCount - n0, Retry.CappedShare(c), c.maxBackoff / 4.0, 1.0 - c.jitter);
    }
  }
}
