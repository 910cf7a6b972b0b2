/** The queue protocol's promises over whole runs. */
module Runs {
  import opened Wrappers
  import opened Requests
  import opened Staging
  import opened Protocol
  import opened Commits
  import opened Budgets
  import Retry

  // --- Everything at once -------------------------------------------------------

  ghost predicate Inv(s: State) {
    && UniqueKeys(s.rows)
    && ClaimsAreExclusive(s) && CountsBusy(s) && AccountsHold(s)
    && Replays(s) && CommitsAreFinal(s) && AttemptsAreLive(s) && CallbacksFollowCommits(s)
    && s.nextAttempt == Claimed(s.accounts)
  }

  lemma StepKeepsUniqueKeys(s: State, e: Event)
    requires Enabled(s, e) && UniqueKeys(s.rows)
    ensures UniqueKeys(Apply(s, e).rows)
  {
    if e.Probe? || e.Seed? {
    } else if e.Flush? {
      var requests := At(s, e.w).buffer.requests;
      InsertAllAppendsTheNew(s.rows, requests);
      InsertAllKeepsUniqueKeys(s.rows, requests);
    } else {
      StatusStepInsertsNothing(s, e);
    }
  }

  // --- Claims are counted -------------------------------------------------------

  function Claimed(accounts: seq<Account>): nat {
    if accounts == [] then 0 else Claimed(accounts[..|accounts| - 1]) + accounts[|accounts| - 1].claims
  }

  function Releases(accounts: seq<Account>): nat {
    if accounts == [] then 0 else Releases(accounts[..|accounts| - 1]) + accounts[|accounts| - 1].releases
  }

  function Retries(t: Table): nat {
    if t == [] then 0 else Retries(t[..|t| - 1]) + t[|t| - 1].retryCount
  }

  function Count(t: Table, status: Status): nat {
    if t == [] then 0 else Count(t[..|t| - 1], status) + if t[|t| - 1].status == status then 1 else 0
  }

  lemma {:induction false} ClaimedSame(a: seq<Account>, b: seq<Account>)
    requires |a| == |b| && forall i :: 0 <= i < |a| ==> a[i].claims == b[i].claims
    ensures Claimed(a) == Claimed(b)
  {
    if a != [] {
      ClaimedSame(a[..|a| - 1], b[..|b| - 1]);
    }
  }

  lemma {:induction false} ClaimedOnce(a: seq<Account>, i: nat, account: Account)
    requires i < |a|
    ensures Claimed(a[i := account]) == Claimed(a) - a[i].claims + account.claims
  {
    var b := a[i := account];
    if i == |a| - 1 {
      assert b[..i] == a[..i];
    } else {
      ClaimedOnce(a[..|a| - 1], i, account);
      assert b[..|a| - 1] == a[..|a| - 1][i := account];
    }
  }

  lemma {:induction false} NoneClaimed(a: seq<Account>, n: nat)
    ensures Claimed(a + NewAccounts(n)) == Claimed(a)
  {
    if n == 0 {
      assert a + NewAccounts(0) == a;
    } else {
      var b := a + NewAccounts(n);
      assert b[..|b| - 1] == a + NewAccounts(n - 1);
      NoneClaimed(a, n - 1);
    }
  }

  /** Only the dequeue claims. */
  lemma StepClaimsNothing(s: State, e: Event)
    requires Enabled(s, e) && InsertsNothing(e) && !e.DequeueCommits?
    requires |s.accounts| == |s.rows|
    ensures var s' := Apply(s, e);
            && s'.nextAttempt == s.nextAttempt && |s'.accounts| == |s.accounts|
            && forall i :: 0 <= i < |s.accounts| ==> s'.accounts[i].claims == s.accounts[i].claims
  {
  }

  lemma StepCountsClaims(s: State, e: Event)
    requires Enabled(s, e) && |s.accounts| == |s.rows| && s.nextAttempt == Claimed(s.accounts)
    ensures Apply(s, e).nextAttempt == Claimed(Apply(s, e).accounts)
  {
    var s' := Apply(s, e);
    if e.DequeueCommits? {
      var next := NextPending(s.rows, s.now);
      if next.Some? {
        ClaimedOnce(s.accounts, next.value, s'.accounts[next.value]);
      }
    } else if e.Flush? {
      NoneClaimed(s.accounts, |New(s.rows, At(s, e.w).buffer.requests)|);
    } else if e.Probe? || e.Seed? {
      assert s'.accounts != s.accounts ==> s'.accounts == s.accounts + NewAccounts(1);
      NoneClaimed(s.accounts, 1);
    } else {
      StepClaimsNothing(s, e);
      ClaimedSame(s.accounts, s'.accounts);
    }
  }

  // --- Runs ---------------------------------------------------------------------

  lemma InitHolds(s: State)
    requires Init(s)
    ensures Inv(s)
  {
  }

  lemma StepHolds(s: State, e: Event)
    requires Enabled(s, e) && Inv(s)
    ensures Inv(Apply(s, e))
  {
    StepKeepsUniqueKeys(s, e);
    StepKeepsClaimsExclusive(s, e);
    StepCountsBusy(s, e);
    StepKeepsAccounts(s, e);
    StepReplays(s, e);
    StepKeepsCommits(s, e);
    StepKeepsAttempts(s, e);
    StepKeepsCallbacks(s, e);
    StepCountsClaims(s, e);
  }

  lemma {:induction false} RunHolds(trace: seq<State>, i: nat)
    requires Run(trace) && i < |trace|
    ensures Inv(trace[i])
  {
    if i == 0 {
      InitHolds(trace[0]);
    } else {
      RunHolds(trace, i - 1);
      assert Step(trace[i - 1], trace[i - 1 + 1]);
      var e :| Enabled(trace[i - 1], e) && trace[i] == Apply(trace[i - 1], e);
      StepHolds(trace[i - 1], e);
    }
  }

  // --- Results and children come from one attempt --------------------------------

  function ResultsFor(results: seq<ResultRow>, id: nat): seq<string> {
    if results == [] then []
    else
      ResultsFor(results[..|results| - 1], id) +
      if results[|results| - 1].requestId == id then [results[|results| - 1].data] else []
  }

  function ChildrenFor(t: Table, id: nat): seq<RequestInsert> {
    if t == [] then []
    else
      ChildrenFor(t[..|t| - 1], id) +
      if t[|t| - 1].insert.parent == Some(id) then [t[|t| - 1].insert] else []
  }

  function Inserts(staged: seq<StagedRequest>): (r: seq<RequestInsert>)
    ensures |r| == |staged| && forall i :: 0 <= i < |r| ==> r[i] == staged[i].insert
  {
    seq(|staged|, i requires 0 <= i < |staged| => staged[i].insert)
  }

  /** Where request `id` committed. */
  function CommitOf(log: seq<Entry>, id: nat): (r: Option<nat>)
    ensures r.Some? ==> r.value < |log| && log[r.value].Commit? && log[r.value].id == id
    ensures r.None? <==> forall i :: 0 <= i < |log| && log[i].Commit? ==> log[i].id != id
  {
    if log == [] then None
    else if log[|log| - 1].Commit? && log[|log| - 1].id == id then Some(|log| - 1)
    else CommitOf(log[..|log| - 1], id)
  }

  /** The log alone: one commit per request, each with its own children. */
  ghost predicate WellLogged(log: seq<Entry>) {
    && (forall i :: 0 <= i < |log| && log[i].Commit? ==> ChildrenOf(log[i].id, log[i].buffer))
    && (forall i, j :: 0 <= i < j < |log| && log[i].Commit? && log[j].Commit? ==> log[i].id != log[j].id)
    && (forall i :: 0 <= i < |log| && log[i].Direct? ==> log[i].insert.parent.None?)
  }

  lemma {:induction false} ResultsForAppend(a: seq<ResultRow>, b: seq<ResultRow>, id: nat)
    ensures ResultsFor(a + b, id) == ResultsFor(a, id) + ResultsFor(b, id)
  {
    if b == [] {
      assert a + b == a;
    } else {
      assert (a + b)[..|a + b| - 1] == a + b[..|b| - 1];
      ResultsForAppend(a, b[..|b| - 1], id);
    }
  }

  lemma {:induction false} ResultsForOne(owner: nat, results: seq<string>, id: nat)
    ensures ResultsFor(ResultRows(owner, results), id) == if owner == id then results else []
  {
    if results != [] {
      var init := results[..|results| - 1];
      ResultsForOne(owner, init, id);
      assert ResultRows(owner, results)[..|results| - 1] == ResultRows(owner, init);
      assert results == init + [results[|results| - 1]];
    }
  }

  lemma {:induction false} ChildrenForAppend(a: Table, b: Table, id: nat)
    ensures ChildrenFor(a + b, id) == ChildrenFor(a, id) + ChildrenFor(b, id)
  {
    if b == [] {
      assert a + b == a;
    } else {
      assert (a + b)[..|a + b| - 1] == a + b[..|b| - 1];
      ChildrenForAppend(a, b[..|b| - 1], id);
    }
  }

  lemma {:induction false} ChildrenForOne(owner: nat, staged: seq<StagedRequest>, id: nat)
    requires forall i :: 0 <= i < |staged| ==> staged[i].insert.parent == Some(owner)
    ensures ChildrenFor(NewRows(staged), id) == if owner == id then Inserts(staged) else []
  {
    if staged == [] {
      assert Inserts(staged) == [];
    } else {
      var init := staged[..|staged| - 1];
      ChildrenForOne(owner, init, id);
      assert NewRows(staged)[..|staged| - 1] == NewRows(init);
      assert Inserts(staged) == Inserts(init) + [staged[|staged| - 1].insert];
    }
  }

  lemma {:induction false} SameChildren(t: Table, t': Table, id: nat)
    requires SameInserts(t, t')
    ensures ChildrenFor(t, id) == ChildrenFor(t', id)
  {
    if t != [] {
      SameChildren(t[..|t| - 1], t'[..|t'| - 1], id);
    }
  }

  /** New requests are among the staged ones. */
  lemma {:induction false} NewAreStaged(t: Table, staged: seq<StagedRequest>, parent: Option<nat>)
    requires forall i :: 0 <= i < |staged| ==> staged[i].insert.parent == parent
    ensures forall i :: 0 <= i < |New(t, staged)| ==> New(t, staged)[i].insert.parent == parent
  {
    if staged != [] {
      NewAreStaged(t, staged[..|staged| - 1], parent);
    }
  }

  lemma EarlierLog(log: seq<Entry>, id: nat)
    requires WellLogged(log) && log != []
    ensures var init, last := log[..|log| - 1], log[|log| - 1];
            && WellLogged(init)
            && (last.Commit? && last.id == id ==> CommitOf(log, id) == Some(|init|) && CommitOf(init, id).None?)
            && (!(last.Commit? && last.id == id) ==> CommitOf(log, id) == CommitOf(init, id))
  {
  }

  lemma {:induction false} LoggedResultsOf(log: seq<Entry>, id: nat)
    requires WellLogged(log)
    ensures ResultsFor(LoggedResults(log), id) ==
            if CommitOf(log, id).None? then [] else log[CommitOf(log, id).value].buffer.results
  {
    if log != [] {
      var init, last := log[..|log| - 1], log[|log| - 1];
      EarlierLog(log, id);
      LoggedResultsOf(init, id);
      if last.Commit? {
        ResultsForAppend(LoggedResults(init), ResultRows(last.id, last.buffer.results), id);
        ResultsForOne(last.id, last.buffer.results, id);
      } else {
        assert LoggedResults(log) == LoggedResults(init);
      }
    }
  }

  /** The children an entry adds. */
  lemma EntryChildren(log: seq<Entry>, id: nat)
    requires WellLogged(log) && log != []
    ensures var init, last := log[..|log| - 1], log[|log| - 1];
            ChildrenFor(LoggedRows(log), id) == ChildrenFor(LoggedRows(init), id) +
              if last.Commit? && last.id == id then Inserts(New(LoggedRows(init), last.buffer.requests)) else []
  {
    var init, last := log[..|log| - 1], log[|log| - 1];
    var before := LoggedRows(init);
    if last.Commit? {
      var added := New(before, last.buffer.requests);
      NewAreStaged(before, last.buffer.requests, Some(last.id));
      ChildrenForAppend(before, NewRows(added), id);
      ChildrenForOne(last.id, added, id);
    } else if LoggedRows(log) != before {
      ChildrenForAppend(before, [NewRow(last.insert)], id);
      assert ChildrenFor([NewRow(last.insert)], id) == [];
    }
  }

  lemma {:induction false} LoggedChildrenOf(log: seq<Entry>, id: nat)
    requires WellLogged(log)
    ensures ChildrenFor(LoggedRows(log), id) ==
            if CommitOf(log, id).None? then []
            else Inserts(New(LoggedRows(log[..CommitOf(log, id).value]), log[CommitOf(log, id).value].buffer.requests))
  {
    if log != [] {
      var init := log[..|log| - 1];
      EarlierLog(log, id);
      LoggedChildrenOf(init, id);
      EntryChildren(log, id);
      var at := CommitOf(init, id);
      if at.Some? {
        assert init[..at.value] == log[..at.value];
      }
    }
  }

  /** A request has results and children only once it is COMPLETED, and then they
      are one attempt's: all of the results its buffer held, and all of the
      requests that were new when it committed, in order and nothing else. */
  lemma WritesAreOneAttempts(trace: seq<State>, i: nat, id: nat)
    requires Run(trace) && i < |trace|
    ensures var s := trace[i]; var at := CommitOf(s.log, id);
            if at.None? then ResultsFor(s.results, id) == [] && ChildrenFor(s.rows, id) == []
            else
              var buffer := s.log[at.value].buffer;
              && id < |s.rows| && s.rows[id].status.Completed?
              && ResultsFor(s.results, id) == buffer.results
              && ChildrenFor(s.rows, id) == Inserts(New(LoggedRows(s.log[..at.value]), buffer.requests))
  {
    RunHolds(trace, i);
    var s := trace[i];
    assert WellLogged(s.log) by {
      assert forall j :: 0 <= j < |s.log| && s.log[j].Commit? ==> CommitStands(s, s.log[j]);
    }
    LoggedResultsOf(s.log, id);
    LoggedChildrenOf(s.log, id);
    SameChildren(s.rows, LoggedRows(s.log), id);
  }

  /** Callbacks run only after their attempt's commit, in order, each at most once. */
  lemma CallbacksRunAfterTheCommit(trace: seq<State>, i: nat, a: Attempt)
    requires Run(trace) && i < |trace| && a in trace[i].ran
    ensures exists j :: 0 <= j < |trace[i].log| && trace[i].log[j].Commit? && trace[i].log[j].attempt == a
              && trace[i].ran[a] <= trace[i].log[j].buffer.callbacks
  {
    RunHolds(trace, i);
    var s := trace[i];
    assert RanInOrder(s, a);
    var rest :| Promised(s.log, a, s.ran[a] + rest);
    var j :| 0 <= j < |s.log| && s.log[j].Commit? && s.log[j].attempt == a && s.log[j].buffer.callbacks == s.ran[a] + rest;
  }

  // --- Quiescence ---------------------------------------------------------------

  predicate NothingPending(s: State) {
    forall i :: 0 <= i < |s.rows| ==> !s.rows[i].status.Pending?
  }

  predicate PoolEvent(e: Event) {
    !e.Release? && !e.Seed?
  }

  /** Nothing is pending, and no one can make it so. */
  ghost predicate Quiet(s: State) {
    && NothingPending(s) && NoClaims(s)
    && forall w :: w in s.workers && s.workers[w].Settled? ==> s.workers[w].callbacks == []
  }

  lemma ZeroCountIsQuiet(s: State)
    requires NothingPending(s) && CountsBusy(s) && s.inFlight == 0
    ensures Quiet(s)
  {
    assert Busy(s) == {};
    assert forall w :: w in s.workers ==> w !in Busy(s);
  }

  lemma QuietStep(s: State, e: Event)
    requires Enabled(s, e) && PoolEvent(e) && Quiet(s)
    ensures var s' := Apply(s, e);
            Quiet(s') && s'.rows == s.rows && s'.results == s.results && s'.ran == s.ran
  {
  }

  /** Steps of a running pool, crashes included. */
  ghost predicate PoolRun(trace: seq<State>) {
    forall i :: 0 <= i < |trace| - 1 ==> exists e :: Enabled(trace[i], e) && PoolEvent(e) && trace[i + 1] == Apply(trace[i], e)
  }

  lemma {:induction false} QuietRun(trace: seq<State>, i: nat)
    requires PoolRun(trace) && i < |trace| && Quiet(trace[0])
    ensures Quiet(trace[i]) && trace[i].rows == trace[0].rows && trace[i].results == trace[0].results && trace[i].ran == trace[0].ran
  {
    if i > 0 {
      QuietRun(trace, i - 1);
      var k := i - 1;
      var e :| Enabled(trace[k], e) && PoolEvent(e) && trace[k + 1] == Apply(trace[k], e);
      QuietStep(trace[k], e);
    }
  }

  /** A snapshot with no PENDING row and a zero count is final: whatever the pool
      does afterwards, no row, no result and no callback changes. */
  lemma ZeroCountIsFinal(trace: seq<State>, at: nat, later: seq<State>, i: nat)
    requires Run(trace) && at < |trace|
    requires NothingPending(trace[at]) && trace[at].inFlight == 0
    requires PoolRun(later) && i < |later| && later[0] == trace[at]
    ensures later[i].rows == trace[at].rows && later[i].results == trace[at].results && later[i].ran == trace[at].ran
  {
    RunHolds(trace, at);
    ZeroCountIsQuiet(trace[at]);
    QuietRun(later, i);
  }

  // --- Conservation -------------------------------------------------------------

  lemma {:induction false} Balance(t: Table, accounts: seq<Account>)
    requires |accounts| == |t| && forall i :: 0 <= i < |t| ==> AccountHolds(t[i], accounts[i])
    ensures Claimed(accounts) ==
            Count(t, Completed) + Count(t, Failed) + Count(t, InProgress) + Retries(t) + Releases(accounts)
  {
    if t != [] {
      Balance(t[..|t| - 1], accounts[..|accounts| - 1]);
      assert AccountHolds(t[|t| - 1], accounts[|t| - 1]);
    }
  }

  /** The claims held: who holds which row. */
  function HeldBy(s: State): map<WorkerId, nat> {
    map w | w in s.workers && Claims(s.workers[w]) :: s.workers[w].id
  }

  ghost predicate Unheld(s: State, id: nat) {
    forall w :: w in s.workers && Claims(s.workers[w]) ==> s.workers[w].id != id
  }

  /** The rows in progress that no live claim holds. */
  ghost function Stranded(s: State): set<nat> {
    set i | i in Running(s.rows) && Unheld(s, i)
  }

  function Running(t: Table): set<nat> {
    set i: nat | i < |t| && t[i].status.InProgress?
  }

  lemma {:induction false} CountIsCardinality(t: Table)
    ensures Count(t, InProgress) == |Running(t)|
  {
    if t != [] {
      var init := t[..|t| - 1];
      CountIsCardinality(init);
      if t[|t| - 1].status.InProgress? {
        assert Running(t) == Running(init) + {|t| - 1};
      } else {
        assert Running(t) == Running(init);
      }
    }
  }

  lemma {:induction false} ValuesCardinality(m: map<WorkerId, nat>)
    requires forall v, w :: v in m && w in m && v != w ==> m[v] != m[w]
    ensures |m.Values| == |m|
  {
    if m == map[] {
      assert m.Values == {};
    } else {
      var w :| w in m;
      var rest := m - {w};
      ValuesCardinality(rest);
      forall x | x in m.Values
        ensures x in rest.Values + {m[w]}
      {
        var v :| v in m && m[v] == x;
        assert v != w ==> rest[v] == x;
      }
      assert m.Values == rest.Values + {m[w]};
      assert m == rest[w := m[w]];
    }
  }

  lemma HeldIffNotUnheld(s: State, id: nat)
    ensures id in HeldBy(s).Values <==> !Unheld(s, id)
  {
    if !Unheld(s, id) {
      var w :| w in s.workers && Claims(s.workers[w]) && s.workers[w].id == id;
      assert HeldBy(s)[w] == id;
    }
  }

  lemma StrandedAreTheRest(s: State)
    requires ClaimsAreExclusive(s)
    ensures HeldBy(s).Values <= Running(s.rows)
    ensures Stranded(s) == Running(s.rows) - HeldBy(s).Values
  {
    forall id: nat
      ensures id in HeldBy(s).Values <==> !Unheld(s, id)
    {
      HeldIffNotUnheld(s, id);
    }
  }

  lemma Parts(whole: set<nat>, part: set<nat>)
    requires part <= whole
    ensures |whole| == |part| + |whole - part|
  {
  }

  lemma HeldAndStranded(s: State)
    requires ClaimsAreExclusive(s)
    ensures Count(s.rows, InProgress) == |HeldBy(s)| + |Stranded(s)|
  {
    CountIsCardinality(s.rows);
    StrandedAreTheRest(s);
    Parts(Running(s.rows), HeldBy(s).Values);
    ValuesCardinality(HeldBy(s));
  }

  /** Claims made are completions, failures, retries, releases, claims still held
      and rows stranded in progress; nothing is lost or counted twice. */
  lemma ClaimsAreConserved(trace: seq<State>, i: nat)
    requires Run(trace) && i < |trace|
    ensures var s := trace[i];
            s.nextAttempt == Count(s.rows, Completed) + Count(s.rows, Failed) + Retries(s.rows)
              + Releases(s.accounts) + |HeldBy(s)| + |Stranded(s)|
  {
    RunHolds(trace, i);
    Balance(trace[i].rows, trace[i].accounts);
    HeldAndStranded(trace[i]);
  }

  lemma {:induction false} ClaimsPerRow(t: Table, accounts: seq<Account>, limit: nat)
    requires |accounts| == |t| && forall i :: 0 <= i < |t| ==> AccountHolds(t[i], accounts[i])
    requires forall i :: 0 <= i < |t| ==> t[i].retryCount <= limit
    ensures Claimed(accounts) <= |t| * (1 + limit) + Releases(accounts)
  {
    if t != [] {
      ClaimsPerRow(t[..|t| - 1], accounts[..|accounts| - 1], limit);
      assert AccountHolds(t[|t| - 1], accounts[|t| - 1]);
      assert |t| * (1 + limit) == (|t| - 1) * (1 + limit) + (1 + limit);
    }
  }

  lemma DequeuesPerRow(trace: seq<State>, i: nat, limit: nat)
    requires Run(trace) && i < |trace| && RetriedAtMost(trace[i], limit)
    ensures trace[i].nextAttempt <= |trace[i].rows| * (1 + limit) + Releases(trace[i].accounts)
  {
    RunHolds(trace, i);
    ClaimsPerRow(trace[i].rows, trace[i].accounts, limit);
  }

  /** Beyond the releases each row is claimed at most once, and once more for each retry
      the largest budget of any session leaves room for: finitely many requests make
      finitely many dequeues. */
  lemma DequeuesAreBounded(trace: seq<State>, i: nat, n: nat, share: real)
    requires Run(trace) && i < |trace| && share > 0.0
    requires forall k :: 0 <= k < |trace| ==> PaysFrom(trace[k].config, n, share)
    ensures trace[i].nextAttempt <= |trace[i].rows| * (1 + n + (trace[i].budget / share).Floor) + Releases(trace[i].accounts)
  {
    RetriesAreShares(trace, i, n, share);
    DequeuesPerRow(trace, i, n + (trace[i].budget / share).Floor);
  }

  /** Whatever the sessions: once, and once more for each second of that budget. */
  lemma DequeuesAreSeconds(trace: seq<State>, i: nat)
    requires Run(trace) && i < |trace|
    ensures trace[i].nextAttempt <= |trace[i].rows| * (1 + trace[i].budget.Floor) + Releases(trace[i].accounts)
  {
    RetriesAreSeconds(trace, i);
    DequeuesPerRow(trace, i, trace[i].budget.Floor);
  }

  /** With one configuration: once, and n0 + 4 / (1 - jitter) times more. */
  lemma DequeuesAreCapped(trace: seq<State>, i: nat, c: Retry.Config, n0: nat)
    requires Run(trace) && i < |trace| && Always(trace, c) && Retry.FirstCapped(c, n0)
    ensures trace[i].nextAttempt <=
            |trace[i].rows| * (1 + n0 + (4.0 / (1.0 - c.jitter)).Floor) + Releases(trace[i].accounts)
  {
    RetriesAreCapped(trace, i, c, n0);
    DequeuesPerRow(trace, i, n0 + (4.0 / (1.0 - c.jitter)).Floor);
  }

  // --- Stranded rows ------------------------------------------------------------

  /** A row whose validation fails after the dequeue committed is left in progress
      with no claim on it. */
  lemma RowInvalidStrands(s: State, w: WorkerId)
    requires Enabled(s, RowInvalid(w)) && ClaimsAreExclusive(s)
    ensures s.workers[w].id in Stranded(Apply(s, RowInvalid(w)))
  {
  }

  /** No worker can pick it up or settle it. */
  lemma StrandedStays(s: State, e: Event, id: nat)
    requires Enabled(s, e) && !e.Release? && id in Stranded(s)
    ensures id in Stranded(Apply(s, e))
  {
  }

  /** A release recovers it, with all it had: every interrupted row is pending
      again, and the rest is as it was. */
  lemma ReleaseRecovers(s: State)
    requires Enabled(s, Release) && Inv(s)
    ensures var s' := Apply(s, Release);
            && Stranded(s') == {} && Running(s'.rows) == {}
            && (forall i :: 0 <= i < |s.rows| ==>
                  s'.rows[i] == if i in Stranded(s) then s.rows[i].(status := Pending) else s.rows[i])
  {
  }
}
